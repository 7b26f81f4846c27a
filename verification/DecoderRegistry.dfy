/** The decoder registry of the Java library
  * (lib/java/se/lth/control/labcomm2014/DecoderRegistry.java): two maps that share
  * mutable entries, one by handler class and one by the sender's index. An entry
  * object is named by its position in `entries`, in the order of creation.
  */
module DecoderRegistry {
  import opened Options

  /** Name and signature. */
  datatype Key = Key(name: string, signature: string)

  /** A generated dispatcher: the sample class and what it decodes. */
  datatype Dispatcher = Dispatcher(class_: nat, key: Key)

  /** `index` is 0 until a definition has been received. */
  datatype Entry = Entry(key: Key, dispatcher: Option<Dispatcher>, handler: Option<nat>, index: nat)

  datatype Reg = Reg(entries: seq<Entry>, byClass: map<nat, nat>, byIndex: map<nat, nat>)

  /** An entry among the values of a map that matches. */
  ghost predicate Matches(r: Reg, m: map<nat, nat>, key: Key, x: nat) {
    x in m && m[x] < |r.entries| && r.entries[m[x]].key == key
  }

  ghost predicate Listed(r: Reg, m: map<nat, nat>, key: Key) {
    exists x :: Matches(r, m, key, x)
  }

  ghost function Pick(r: Reg, m: map<nat, nat>, key: Key): nat
    requires Listed(r, m, key)
  {
    var x :| Matches(r, m, key, x);
    m[x]
  }

  // The classes TypeDef and TypeBinding have fixed indices.

  const TYPE_DEF_CLASS: nat := 0
  const TYPE_BINDING_CLASS: nat := 1

  /** 0 for the class of a sample. */
  function FixedIndex(class_: nat): nat {
    if class_ == TYPE_DEF_CLASS then 4 else if class_ == TYPE_BINDING_CLASS then 5 else 0
  }

  /** A new entry, whatever was there before. */
  function AddFixed(r: Reg, d: Dispatcher, h: nat): Reg {
    var (i, n) := (FixedIndex(d.class_), |r.entries|);
    Reg(r.entries + [Entry(d.key, Some(d), Some(h), i)], r.byClass[d.class_ := n], r.byIndex[i := n])
  }

  /** add(dispatcher, handler); None is the IOException. */
  ghost function AddHandler(r: Reg, d: Dispatcher, h: nat): Option<Reg> {
    if FixedIndex(d.class_) != 0 then Some(AddFixed(r, d, h))
    else if d.class_ in r.byClass && r.byClass[d.class_] < |r.entries| then
      var a := r.byClass[d.class_];
      if r.entries[a].key != d.key then None
      else Some(r.(entries := r.entries[a := r.entries[a].(handler := Some(h))]))
    else if Listed(r, r.byIndex, d.key) then
      var a := Pick(r, r.byIndex, d.key);
      Some(r.(entries := r.entries[a := r.entries[a].(dispatcher := Some(d), handler := Some(h))]))
    else
      Some(r.(entries := r.entries + [Entry(d.key, Some(d), Some(h), 0)], byClass := r.byClass[d.class_ := |r.entries|]))
  }

  /** add(index, name, signature). */
  ghost function AddDefinition(r: Reg, i: nat, key: Key): Option<Reg> {
    if i in r.byIndex && r.byIndex[i] < |r.entries| then
      if r.entries[r.byIndex[i]].key == key then Some(r) else None
    else if Listed(r, r.byClass, key) then
      var a := Pick(r, r.byClass, key);
      if r.entries[a].index != 0 && r.entries[a].index != i then None
      else Some(r.(entries := r.entries[a := r.entries[a].(index := i)], byIndex := r.byIndex[i := a]))
    else
      Some(r.(entries := r.entries + [Entry(key, None, None, i)], byIndex := r.byIndex[i := |r.entries|]))
  }

  function Get(r: Reg, i: nat): Option<Entry> {
    if i in r.byIndex && r.byIndex[i] < |r.entries| then Some(r.entries[r.byIndex[i]]) else None
  }

  // ----------------------------------------------------------------------- any order

  datatype Event = Handler(d: Dispatcher, h: nat) | Definition(i: nat, key: Key)

  predicate HasFixed(e: Event) {
    e.Handler? && FixedIndex(e.d.class_) != 0
  }

  /** Classes and samples correspond one to one, and so do indices and samples. Nobody
    * defines what has a fixed index.
    */
  ghost predicate Agree(e: Event, f: Event) {
    && (e.Handler? && f.Handler? ==> (e.d.class_ == f.d.class_ <==> e.d.key == f.d.key))
    && (e.Definition? && f.Definition? ==> (e.i == f.i <==> e.key == f.key))
    && (HasFixed(e) && f.Definition? ==> FixedIndex(e.d.class_) != f.i && e.d.key != f.key)
    && (HasFixed(f) && e.Definition? ==> FixedIndex(f.d.class_) != e.i && f.d.key != e.key)
  }

  /** Besides, classes with a fixed index are registered once. */
  ghost predicate OneToOne(es: seq<Event>) {
    && (forall j, k :: 0 <= j < |es| && 0 <= k < |es| ==> Agree(es[j], es[k]))
    && (forall k :: 0 <= k < |es| && es[k].Definition? ==> es[k].i != 0)
    && (forall j, k :: 0 <= j < k < |es| && HasFixed(es[j]) && es[k].Handler? ==> es[j].d.class_ != es[k].d.class_)
  }

  /** The handler registered last for a sample. */
  function Latest(es: seq<Event>, key: Key): Option<nat> {
    if es == [] then None
    else
      var e := es[|es| - 1];
      if e.Handler? && e.d.key == key then Some(e.h) else Latest(es[..|es| - 1], key)
  }

  ghost function Step(r: Reg, e: Event): Option<Reg> {
    match e
    case Handler(d, h) => AddHandler(r, d, h)
    case Definition(i, key) => AddDefinition(r, i, key)
  }

  ghost function Run(es: seq<Event>): Option<Reg> {
    if es == [] then Some(Reg([], map[], map[]))
    else
      match Run(es[..|es| - 1])
      case None => None
      case Some(r) => Step(r, es[|es| - 1])
  }

  /** How the two maps and the entries hang together. */
  ghost predicate EntryOk(r: Reg, a: nat)
    requires a < |r.entries|
  {
    var e := r.entries[a];
    if e.index != 0 then e.index in r.byIndex && r.byIndex[e.index] == a
    else e.dispatcher.Some? && e.dispatcher.value.class_ in r.byClass && r.byClass[e.dispatcher.value.class_] == a
  }

  ghost predicate Shape(r: Reg) {
    && (forall c :: c in r.byClass ==> r.byClass[c] < |r.entries|)
    && (forall i :: i in r.byIndex ==> r.byIndex[i] < |r.entries| && r.entries[r.byIndex[i]].index == i && i != 0)
    && (forall a :: 0 <= a < |r.entries| ==> EntryOk(r, a))
    && (forall a, b :: 0 <= a < b < |r.entries| ==> r.entries[a].key != r.entries[b].key)
  }

  /** How they record what happened. */
  ghost predicate HandledIn(es: seq<Event>, c: nat, key: Key) {
    exists h :: Handler(Dispatcher(c, key), h) in es
  }

  /** The index was announced for that sample, or is fixed for it. */
  ghost predicate IndexedIn(es: seq<Event>, i: nat, key: Key) {
    || Definition(i, key) in es
    || exists c :: FixedIndex(c) == i && i != 0 && HandledIn(es, c, key)
  }

  ghost predicate HasKey(r: Reg, key: Key) {
    exists a :: 0 <= a < |r.entries| && r.entries[a].key == key
  }

  ghost predicate Records(r: Reg, es: seq<Event>) {
    && (forall a :: 0 <= a < |r.entries| ==> r.entries[a].handler == Latest(es, r.entries[a].key))
    && (forall c :: c in r.byClass && r.byClass[c] < |r.entries| ==> HandledIn(es, c, r.entries[r.byClass[c]].key))
    && (forall i :: i in r.byIndex && r.byIndex[i] < |r.entries| ==> IndexedIn(es, i, r.entries[r.byIndex[i]].key))
    && (forall k :: 0 <= k < |es| && es[k].Definition? ==> es[k].i in r.byIndex)
    && (forall k :: 0 <= k < |es| && es[k].Handler? ==> HasKey(r, es[k].d.key))
    && (forall k :: 0 <= k < |es| && HasFixed(es[k]) ==> FixedIndex(es[k].d.class_) in r.byIndex)
  }

  lemma LatestStep(p: seq<Event>, e: Event, key: Key)
    ensures Latest(p + [e], key) == if e.Handler? && e.d.key == key then Some(e.h) else Latest(p, key)
  {
    assert (p + [e])[..|p|] == p;
  }

  /** What an event in the past says about one that agrees with it. */
  lemma {:induction false} LatestNone(es: seq<Event>, key: Key)
    requires forall k :: 0 <= k < |es| && es[k].Handler? ==> es[k].d.key != key
    ensures Latest(es, key) == None
  {
    if es != [] { LatestNone(es[..|es| - 1], key); }
  }

  // --------------------------------------------------------------- changes of shape

  lemma SetHandlerShape(r: Reg, a: nat, e: Entry)
    requires Shape(r) && a < |r.entries| && e.key == r.entries[a].key && e.index == r.entries[a].index
    requires e.index == 0 ==> e.dispatcher == r.entries[a].dispatcher
    ensures Shape(r.(entries := r.entries[a := e]))
  {
    var r' := r.(entries := r.entries[a := e]);
    forall b | 0 <= b < |r'.entries| ensures EntryOk(r', b) { assert EntryOk(r, b); }
  }

  lemma AppendHandlerShape(r: Reg, d: Dispatcher, h: nat)
    requires Shape(r) && d.class_ !in r.byClass && !HasKey(r, d.key)
    ensures Shape(r.(entries := r.entries + [Entry(d.key, Some(d), Some(h), 0)], byClass := r.byClass[d.class_ := |r.entries|]))
  {
    var r' := r.(entries := r.entries + [Entry(d.key, Some(d), Some(h), 0)], byClass := r.byClass[d.class_ := |r.entries|]);
    forall b | 0 <= b < |r'.entries| ensures EntryOk(r', b) { if b < |r.entries| { assert EntryOk(r, b); } }
  }

  lemma SetIndexShape(r: Reg, a: nat, i: nat)
    requires Shape(r) && a < |r.entries| && r.entries[a].index == 0 && i != 0 && i !in r.byIndex
    ensures Shape(r.(entries := r.entries[a := r.entries[a].(index := i)], byIndex := r.byIndex[i := a]))
  {
    var r' := r.(entries := r.entries[a := r.entries[a].(index := i)], byIndex := r.byIndex[i := a]);
    forall b | 0 <= b < |r'.entries| ensures EntryOk(r', b) { assert EntryOk(r, b); }
  }

  lemma AppendDefinitionShape(r: Reg, i: nat, key: Key)
    requires Shape(r) && i != 0 && i !in r.byIndex && !HasKey(r, key)
    ensures Shape(r.(entries := r.entries + [Entry(key, None, None, i)], byIndex := r.byIndex[i := |r.entries|]))
  {
    var r' := r.(entries := r.entries + [Entry(key, None, None, i)], byIndex := r.byIndex[i := |r.entries|]);
    forall b | 0 <= b < |r'.entries| ensures EntryOk(r', b) { if b < |r.entries| { assert EntryOk(r, b); } }
  }

  // ------------------------------------------------------------- changes of records

  lemma HandledMore(p: seq<Event>, e: Event, c: nat, key: Key)
    requires HandledIn(p, c, key)
    ensures HandledIn(p + [e], c, key)
  {
    var h :| Handler(Dispatcher(c, key), h) in p;
    assert Handler(Dispatcher(c, key), h) in p + [e];
  }

  lemma IndexedMore(p: seq<Event>, e: Event, i: nat, key: Key)
    requires IndexedIn(p, i, key)
    ensures IndexedIn(p + [e], i, key)
  {
    if Definition(i, key) in p {
      assert Definition(i, key) in p + [e];
    } else {
      var c :| FixedIndex(c) == i && i != 0 && HandledIn(p, c, key);
      HandledMore(p, e, c, key);
    }
  }

  /** Entries keep their keys, and at most one is appended. */
  ghost predicate Extends(r: Reg, r': Reg) {
    && |r.entries| <= |r'.entries| && forall a :: 0 <= a < |r.entries| ==> r'.entries[a].key == r.entries[a].key
  }

  lemma KeysStay(r: Reg, r': Reg, key: Key)
    requires Extends(r, r') && HasKey(r, key)
    ensures HasKey(r', key)
  {
    var a :| 0 <= a < |r.entries| && r.entries[a].key == key;
    assert r'.entries[a].key == key;
  }

  /** The records after an event, from what is new. */
  lemma RecordsFrom(r: Reg, r': Reg, p: seq<Event>, e: Event)
    requires Records(r, p) && Extends(r, r') && Shape(r) && Shape(r')
    requires forall a :: 0 <= a < |r'.entries| ==> r'.entries[a].handler == Latest(p + [e], r'.entries[a].key)
    requires forall c :: c in r'.byClass ==>
               (c in r.byClass && r'.byClass[c] == r.byClass[c]) || HandledIn(p + [e], c, r'.entries[r'.byClass[c]].key)
    requires forall i :: i in r.byIndex ==> i in r'.byIndex
    requires forall i :: i in r'.byIndex ==>
               (i in r.byIndex && r'.byIndex[i] == r.byIndex[i]) || IndexedIn(p + [e], i, r'.entries[r'.byIndex[i]].key)
    requires e.Definition? ==> e.i in r'.byIndex
    requires HasFixed(e) ==> FixedIndex(e.d.class_) in r'.byIndex
    requires e.Handler? ==> HasKey(r', e.d.key)
    ensures Records(r', p + [e])
  {
    hide Shape, Latest;
    var es := p + [e];
    assert Bounded(r) && Bounded(r') by { ShapeBounds(r); ShapeBounds(r'); }
    forall c | c in r'.byClass && r'.byClass[c] < |r'.entries| ensures HandledIn(es, c, r'.entries[r'.byClass[c]].key) {
      if c in r.byClass && r'.byClass[c] == r.byClass[c] { HandledMore(p, e, c, r.entries[r.byClass[c]].key); }
    }
    forall i | i in r'.byIndex && r'.byIndex[i] < |r'.entries| ensures IndexedIn(es, i, r'.entries[r'.byIndex[i]].key) {
      if i in r.byIndex && r'.byIndex[i] == r.byIndex[i] { IndexedMore(p, e, i, r.entries[r.byIndex[i]].key); }
    }
    forall k | 0 <= k < |es| && HasFixed(es[k]) ensures FixedIndex(es[k].d.class_) in r'.byIndex {
      if k < |p| { assert p[k] == es[k]; }
    }
    forall k | 0 <= k < |es| && es[k].Definition? ensures es[k].i in r'.byIndex {
      if k < |p| { assert p[k] == es[k]; }
    }
    forall k | 0 <= k < |es| && es[k].Handler? ensures HasKey(r', es[k].d.key) {
      if k < |p| { assert p[k] == es[k]; KeysStay(r, r', es[k].d.key); }
    }
  }

  ghost predicate Bounded(r: Reg) {
    && (forall c :: c in r.byClass ==> r.byClass[c] < |r.entries|)
    && (forall i :: i in r.byIndex ==> r.byIndex[i] < |r.entries|)
  }

  lemma ShapeBounds(r: Reg)
    requires Shape(r)
    ensures Bounded(r)
  {}

  lemma AgreeWith(p: seq<Event>, e: Event, f: Event)
    requires OneToOne(p + [e]) && f in p
    ensures Agree(f, e) && (f.Definition? ==> f.i != 0) && (e.Definition? ==> e.i != 0)
    ensures f.Handler? && e.Handler? && (HasFixed(f) || HasFixed(e)) ==> f.d.class_ != e.d.class_
  {
    var k :| 0 <= k < |p| && p[k] == f;
    assert (p + [e])[k] == f && (p + [e])[|p|] == e;
  }

  lemma KeyIsListed(r: Reg, b: nat)
    requires Shape(r) && b < |r.entries|
    ensures r.entries[b].index == 0 ==> Listed(r, r.byClass, r.entries[b].key)
    ensures r.entries[b].index != 0 ==> Listed(r, r.byIndex, r.entries[b].key)
  {
    assert EntryOk(r, b);
    if r.entries[b].index == 0 {
      assert Matches(r, r.byClass, r.entries[b].key, r.entries[b].dispatcher.value.class_);
    } else {
      assert Matches(r, r.byIndex, r.entries[b].key, r.entries[b].index);
    }
  }

  lemma HandlersAfter(r: Reg, r': Reg, p: seq<Event>, e: Event, a: nat)
    requires Records(r, p) && Shape(r') && e.Handler? && a < |r'.entries| && r'.entries[a].key == e.d.key && r'.entries[a].handler == Some(e.h)
    requires |r'.entries| >= |r.entries| && forall b :: 0 <= b < |r'.entries| && b != a ==> b < |r.entries| && r'.entries[b] == r.entries[b]
    ensures forall b :: 0 <= b < |r'.entries| ==> r'.entries[b].handler == Latest(p + [e], r'.entries[b].key)
  {
    forall b | 0 <= b < |r'.entries| ensures r'.entries[b].handler == Latest(p + [e], r'.entries[b].key) {
      LatestStep(p, e, r'.entries[b].key);
      assert b < a ==> r'.entries[b].key != r'.entries[a].key;
      assert a < b ==> r'.entries[a].key != r'.entries[b].key;
    }
  }

  /** Registering a handler, wherever the sample is known already. */
  lemma HandlerStep(r: Reg, p: seq<Event>, d: Dispatcher, h: nat)
    requires Shape(r) && Records(r, p) && OneToOne(p + [Handler(d, h)])
    ensures var r' := AddHandler(r, d, h); r'.Some? && Shape(r'.value) && Records(r'.value, p + [Handler(d, h)])
  {
    hide Shape, Records, Latest, OneToOne, Pick;
    var e := Handler(d, h);
    ShapeBounds(r);
    if FixedIndex(d.class_) != 0 {
      FixedSample(r, p, d, h);
    } else if d.class_ in r.byClass {
      KnownClass(r, p, d, h);
    } else if Listed(r, r.byIndex, d.key) {
      KnownIndex(r, p, d, h);
    } else {
      NewSample(r, p, d, h);
    }
  }

  /** What an index stands for, as far as a new event is concerned. */
  lemma AgreeWithIndex(p: seq<Event>, e: Event, i: nat, key: Key)
    requires OneToOne(p + [e]) && IndexedIn(p, i, key)
    ensures e.Definition? ==> (e.i == i <==> e.key == key)
    ensures HasFixed(e) ==> e.d.key != key && FixedIndex(e.d.class_) != i
  {
    if Definition(i, key) in p {
      AgreeWith(p, e, Definition(i, key));
    } else {
      var c :| FixedIndex(c) == i && i != 0 && HandledIn(p, c, key);
      var h :| Handler(Dispatcher(c, key), h) in p;
      AgreeWith(p, e, Handler(Dispatcher(c, key), h));
    }
  }

  lemma AppendFixedShape(r: Reg, d: Dispatcher, h: nat)
    requires Shape(r) && FixedIndex(d.class_) != 0 && d.class_ !in r.byClass && FixedIndex(d.class_) !in r.byIndex && !HasKey(r, d.key)
    ensures Shape(AddFixed(r, d, h))
  {
    var r' := AddFixed(r, d, h);
    forall b | 0 <= b < |r'.entries| ensures EntryOk(r', b) { if b < |r.entries| { assert EntryOk(r, b); } }
  }

  /** The class is new, and so are its index and its key. */
  lemma FixedIsNew(r: Reg, p: seq<Event>, d: Dispatcher, h: nat)
    requires Shape(r) && Records(r, p) && OneToOne(p + [Handler(d, h)]) && FixedIndex(d.class_) != 0
    ensures d.class_ !in r.byClass && FixedIndex(d.class_) !in r.byIndex && !HasKey(r, d.key)
  {
    hide Latest, OneToOne;
    var e := Handler(d, h);
    if d.class_ in r.byClass {
      var key := r.entries[r.byClass[d.class_]].key;
      var g :| Handler(Dispatcher(d.class_, key), g) in p;
      AgreeWith(p, e, Handler(Dispatcher(d.class_, key), g));
    }
    var i := FixedIndex(d.class_);
    if i in r.byIndex { AgreeWithIndex(p, e, i, r.entries[r.byIndex[i]].key); }
    if HasKey(r, d.key) {
      var b :| 0 <= b < |r.entries| && r.entries[b].key == d.key;
      assert EntryOk(r, b);
      if r.entries[b].index != 0 {
        AgreeWithIndex(p, e, r.entries[b].index, d.key);
      } else {
        var c := r.entries[b].dispatcher.value.class_;
        var g :| Handler(Dispatcher(c, d.key), g) in p;
        AgreeWith(p, e, Handler(Dispatcher(c, d.key), g));
      }
    }
  }

  lemma FixedSample(r: Reg, p: seq<Event>, d: Dispatcher, h: nat)
    requires Shape(r) && Records(r, p) && OneToOne(p + [Handler(d, h)]) && FixedIndex(d.class_) != 0
    ensures var r' := AddHandler(r, d, h); r'.Some? && Shape(r'.value) && Records(r'.value, p + [Handler(d, h)])
  {
    hide Latest, OneToOne, Records, Shape;
    var (e, n) := (Handler(d, h), |r.entries|);
    FixedIsNew(r, p, d, h);
    ShapeBounds(r);
    var r' := AddFixed(r, d, h);
    AppendFixedShape(r, d, h);
    HandlersAfter(r, r', p, e, n);
    assert r'.entries[n].key == d.key;
    assert HandledIn(p + [e], d.class_, d.key) by { assert (p + [e])[|p|] == Handler(Dispatcher(d.class_, d.key), h); }
    assert IndexedIn(p + [e], FixedIndex(d.class_), d.key);
    RecordsFrom(r, r', p, e);
  }

  lemma KnownClass(r: Reg, p: seq<Event>, d: Dispatcher, h: nat)
    requires Shape(r) && Records(r, p) && OneToOne(p + [Handler(d, h)]) && FixedIndex(d.class_) == 0 && d.class_ in r.byClass
    ensures var r' := AddHandler(r, d, h); r'.Some? && Shape(r'.value) && Records(r'.value, p + [Handler(d, h)])
  {
    hide Latest, OneToOne;
    var (e, a) := (Handler(d, h), r.byClass[d.class_]);
    assert HandledIn(p, d.class_, r.entries[a].key);
    var g :| Handler(Dispatcher(d.class_, r.entries[a].key), g) in p;
    AgreeWith(p, e, Handler(Dispatcher(d.class_, r.entries[a].key), g));
    var r' := AddHandler(r, d, h).value;
    hide Records, Shape;
    SetHandlerShape(r, a, r'.entries[a]);
    HandlersAfter(r, r', p, e, a);
    assert r'.entries[a].key == d.key;
    RecordsFrom(r, r', p, e);
  }

  lemma KnownIndex(r: Reg, p: seq<Event>, d: Dispatcher, h: nat)
    requires Shape(r) && Records(r, p) && FixedIndex(d.class_) == 0 && d.class_ !in r.byClass && Listed(r, r.byIndex, d.key)
    ensures var r' := AddHandler(r, d, h); r'.Some? && Shape(r'.value) && Records(r'.value, p + [Handler(d, h)])
  {
    hide Latest;
    var e := Handler(d, h);
    var a := Pick(r, r.byIndex, d.key);
    assert r.entries[a].index != 0;
    var r' := AddHandler(r, d, h).value;
    hide Records, Shape, Pick;
    SetHandlerShape(r, a, r'.entries[a]);
    HandlersAfter(r, r', p, e, a);
    assert r'.entries[a].key == d.key;
    RecordsFrom(r, r', p, e);
  }

  lemma NewSample(r: Reg, p: seq<Event>, d: Dispatcher, h: nat)
    requires Shape(r) && Records(r, p) && OneToOne(p + [Handler(d, h)])
    requires FixedIndex(d.class_) == 0 && d.class_ !in r.byClass && !Listed(r, r.byIndex, d.key)
    ensures var r' := AddHandler(r, d, h); r'.Some? && Shape(r'.value) && Records(r'.value, p + [Handler(d, h)])
  {
    hide Latest, OneToOne;
    var (e, n) := (Handler(d, h), |r.entries|);
    if HasKey(r, d.key) {
      var b :| 0 <= b < |r.entries| && r.entries[b].key == d.key;
      KeyIsListed(r, b);
      assert EntryOk(r, b);
      var c := r.entries[b].dispatcher.value.class_;
      assert HandledIn(p, c, d.key);
      var g :| Handler(Dispatcher(c, d.key), g) in p;
      AgreeWith(p, e, Handler(Dispatcher(c, d.key), g));
    }
    var r' := AddHandler(r, d, h).value;
    hide Records, Shape;
    AppendHandlerShape(r, d, h);
    HandlersAfter(r, r', p, e, n);
    assert r'.entries[n].key == d.key;
    assert HandledIn(p + [e], d.class_, d.key) by { assert (p + [e])[|p|] == Handler(Dispatcher(d.class_, d.key), h); }
    RecordsFrom(r, r', p, e);
  }

  lemma DefinitionStep(r: Reg, p: seq<Event>, i: nat, key: Key)
    requires Shape(r) && Records(r, p) && OneToOne(p + [Definition(i, key)])
    ensures var r' := AddDefinition(r, i, key); r'.Some? && Shape(r'.value) && Records(r'.value, p + [Definition(i, key)])
  {
    hide Shape, Records, Latest, OneToOne, Pick;
    ShapeBounds(r);
    if i in r.byIndex {
      KnownDefinition(r, p, i, key);
    } else if Listed(r, r.byClass, key) {
      HandledDefinition(r, p, i, key);
    } else {
      NewDefinition(r, p, i, key);
    }
  }

  lemma SameHandlers(r: Reg, p: seq<Event>, e: Event, k: Key)
    requires e.Definition?
    ensures Latest(p + [e], k) == Latest(p, k)
  {
    LatestStep(p, e, k);
  }

  lemma KnownDefinition(r: Reg, p: seq<Event>, i: nat, key: Key)
    requires Shape(r) && Records(r, p) && OneToOne(p + [Definition(i, key)]) && i in r.byIndex
    ensures AddDefinition(r, i, key) == Some(r) && Records(r, p + [Definition(i, key)])
  {
    hide Latest, OneToOne;
    var e := Definition(i, key);
    AgreeWithIndex(p, e, i, r.entries[r.byIndex[i]].key);
    forall a | 0 <= a < |r.entries| ensures r.entries[a].handler == Latest(p + [e], r.entries[a].key) {
      SameHandlers(r, p, e, r.entries[a].key);
    }
    hide Records, Shape;
    RecordsFrom(r, r, p, e);
  }

  lemma NotZero(p: seq<Event>, e: Event)
    requires OneToOne(p + [e]) && e.Definition?
    ensures e.i != 0
  {
    assert (p + [e])[|p|] == e;
  }

  /** A handled sample has no index yet, and its entry is found. */
  lemma NotIndexed(r: Reg, p: seq<Event>, i: nat, key: Key)
    requires Shape(r) && Records(r, p) && OneToOne(p + [Definition(i, key)]) && i !in r.byIndex && Listed(r, r.byClass, key)
    ensures var a := Pick(r, r.byClass, key); a < |r.entries| && r.entries[a].index == 0 && i != 0
  {
    hide Latest, OneToOne;
    NotZero(p, Definition(i, key));
    var a := Pick(r, r.byClass, key);
    assert EntryOk(r, a);
    if r.entries[a].index != 0 { AgreeWithIndex(p, Definition(i, key), r.entries[a].index, key); }
  }

  lemma HandlersStay(r: Reg, r': Reg, p: seq<Event>, e: Event)
    requires Records(r, p) && e.Definition? && |r'.entries| == |r.entries|
    requires forall b :: 0 <= b < |r.entries| ==> r'.entries[b].key == r.entries[b].key && r'.entries[b].handler == r.entries[b].handler
    ensures forall b :: 0 <= b < |r'.entries| ==> r'.entries[b].handler == Latest(p + [e], r'.entries[b].key)
  {
    hide Latest;
    forall b | 0 <= b < |r'.entries| ensures r'.entries[b].handler == Latest(p + [e], r'.entries[b].key) {
      SameHandlers(r, p, e, r'.entries[b].key);
    }
  }

  lemma HandledDefinition(r: Reg, p: seq<Event>, i: nat, key: Key)
    requires Shape(r) && Records(r, p) && OneToOne(p + [Definition(i, key)]) && i !in r.byIndex && Listed(r, r.byClass, key)
    ensures var r' := AddDefinition(r, i, key); r'.Some? && Shape(r'.value) && Records(r'.value, p + [Definition(i, key)])
  {
    hide Latest, OneToOne, Records, Shape, Pick;
    var e := Definition(i, key);
    NotIndexed(r, p, i, key);
    ShapeBounds(r);
    var r' := AddDefinition(r, i, key).value;
    HandlersStay(r, r', p, e);
    SetIndexShape(r, Pick(r, r.byClass, key), i);
    assert (p + [e])[|p|] == e;
    PickedKey(r, r.byClass, key);
    RecordsFrom(r, r', p, e);
  }

  lemma PickedKey(r: Reg, m: map<nat, nat>, key: Key)
    requires Listed(r, m, key)
    ensures Pick(r, m, key) < |r.entries| && r.entries[Pick(r, m, key)].key == key
  {}

  lemma NewDefinition(r: Reg, p: seq<Event>, i: nat, key: Key)
    requires Shape(r) && Records(r, p) && OneToOne(p + [Definition(i, key)]) && i !in r.byIndex && !Listed(r, r.byClass, key)
    ensures var r' := AddDefinition(r, i, key); r'.Some? && Shape(r'.value) && Records(r'.value, p + [Definition(i, key)])
  {
    hide Latest, OneToOne;
    var e := Definition(i, key);
    NotZero(p, e);
    if HasKey(r, key) {
      var b :| 0 <= b < |r.entries| && r.entries[b].key == key;
      KeyIsListed(r, b);
      var j := r.entries[b].index;
      assert EntryOk(r, b) && j in r.byIndex && r.byIndex[j] == b;
      AgreeWithIndex(p, e, j, key);
    }
    LatestNone(p, key);
    var r' := AddDefinition(r, i, key).value;
    forall b | 0 <= b < |r'.entries| ensures r'.entries[b].handler == Latest(p + [e], r'.entries[b].key) {
      SameHandlers(r, p, e, r'.entries[b].key);
    }
    hide Records, Shape;
    AppendDefinitionShape(r, i, key);
    assert (p + [e])[|p|] == e;
    RecordsFrom(r, r', p, e);
  }

  lemma {:induction false} RunRecords(es: seq<Event>)
    requires OneToOne(es)
    ensures Run(es).Some? && Shape(Run(es).value) && Records(Run(es).value, es)
  {
    if es != [] {
      var (p, e) := (es[..|es| - 1], es[|es| - 1]);
      assert es == p + [e];
      assert OneToOne(p);
      RunRecords(p);
      hide OneToOne, Shape, Records, AddHandler, AddDefinition;
      match e
      case Handler(d, h) => HandlerStep(Run(p).value, p, d, h);
      case Definition(i, key) => DefinitionStep(Run(p).value, p, i, key);
    }
  }

  /** The event gives the index an entry. */
  ghost predicate Indexes(e: Event, i: nat) {
    (e.Definition? && e.i == i) || (HasFixed(e) && FixedIndex(e.d.class_) == i)
  }

  function KeyOf(e: Event): Key {
    if e.Handler? then e.d.key else e.key
  }

  lemma IndexedBy(es: seq<Event>, i: nat, key: Key) returns (k: nat)
    requires IndexedIn(es, i, key)
    ensures k < |es| && Indexes(es[k], i) && KeyOf(es[k]) == key
  {
    if Definition(i, key) in es {
      k :| 0 <= k < |es| && es[k] == Definition(i, key);
    } else {
      var c :| FixedIndex(c) == i && i != 0 && HandledIn(es, c, key);
      var h :| Handler(Dispatcher(c, key), h) in es;
      k :| 0 <= k < |es| && es[k] == Handler(Dispatcher(c, key), h);
    }
  }

  lemma OneKey(e: Event, f: Event, i: nat)
    requires Agree(e, f) && Indexes(e, i) && Indexes(f, i)
    ensures KeyOf(e) == KeyOf(f)
  {}

  /** Whatever the order of registrations and definitions: nothing throws, get knows
    * exactly the indices that were defined or are fixed for a registered class, and
    * returns an entry with that index, that sample and the handler that was registered
    * last for it.
    */
  lemma AnyOrder(es: seq<Event>, i: nat)
    requires OneToOne(es)
    ensures Run(es).Some?
    ensures Get(Run(es).value, i).Some? <==> exists k :: 0 <= k < |es| && Indexes(es[k], i)
    ensures forall k :: 0 <= k < |es| && Indexes(es[k], i) ==>
              var e := Get(Run(es).value, i);
              e.Some? && e.value.index == i && e.value.key == KeyOf(es[k]) && e.value.handler == Latest(es, KeyOf(es[k]))
  {
    hide Latest, Run, IndexedIn;
    RunRecords(es);
    var r := Run(es).value;
    if Get(r, i).Some? {
      var k := IndexedBy(es, i, r.entries[r.byIndex[i]].key);
    }
    forall k | 0 <= k < |es| && Indexes(es[k], i)
      ensures Get(r, i).Some? && Get(r, i).value.index == i && Get(r, i).value.key == KeyOf(es[k])
    {
      var j := IndexedBy(es, i, r.entries[r.byIndex[i]].key);
      OneKey(es[j], es[k], i);
    }
  }

  // ------------------------------------------------------------------------ in place

  /** The Java class Entry; `at` is when it was created. */
  class EntryObject {
    ghost const at: nat
    const key: Key
    var dispatcher: Option<Dispatcher>
    var handler: Option<nat>
    var index: nat

    constructor (ghost at: nat, key: Key, dispatcher: Option<Dispatcher>, handler: Option<nat>, index: nat)
      ensures this.at == at && Value() == Entry(key, dispatcher, handler, index)
    {
      this.at, this.key, this.dispatcher, this.handler, this.index := at, key, dispatcher, handler, index;
    }

    ghost function Value(): Entry
      reads this
    {
      Entry(key, dispatcher, handler, index)
    }
  }

  type Table = map<nat, EntryObject>

  /** The positions of the objects that a map refers to. */
  ghost function Positions(m: Table): map<nat, nat> {
    map x | x in m :: m[x].at
  }

  /** Every reference is to one of the objects. */
  ghost predicate RefersTo(m: Table, objects: seq<EntryObject>) {
    forall x :: x in m ==> m[x].at < |objects| && objects[m[x].at] == m[x]
  }

  /** The two maps share entry objects: what one of them changes the other sees. */
  class Registry {
    var byClass: Table
    var byIndex: Table
    ghost var objects: seq<EntryObject>

    ghost predicate Valid()
      reads this
    {
      && (forall a :: 0 <= a < |objects| ==> objects[a].at == a)
      && RefersTo(byClass, objects) && RefersTo(byIndex, objects)
    }

    ghost function Entries(): seq<Entry>
      reads this, objects
    {
      seq(|objects|, a requires 0 <= a < |objects| reads this, objects => objects[a].Value())
    }

    ghost function Value(): Reg
      reads this, objects
    {
      Reg(Entries(), Positions(byClass), Positions(byIndex))
    }

    constructor ()
      ensures Valid() && objects == [] && Value() == Reg([], map[], map[])
    {
      byClass, byIndex, objects := map[], map[], [];
    }

    /** The loops over byIndex.values() and byClass.values(). */
    method Find(m: Table, key: Key) returns (e: EntryObject?)
      requires Valid() && RefersTo(m, objects) && Shape(Value()) && (m == byClass || m == byIndex)
      ensures e != null <==> Listed(Value(), Positions(m), key)
      ensures e != null ==> e in objects && e.at == Pick(Value(), Positions(m), key) && e.at < |objects| && objects[e.at] == e
    {
      hide Shape, Valid, RefersTo, Value, Positions, Pick, Listed;
      var todo := m.Keys;
      while todo != {}
        invariant todo <= m.Keys && forall x :: x in m && x !in todo ==> m[x].key != key
        decreases |todo|
      {
        var x :| x in todo;
        if m[x].key == key {
          PickedIs(m, key, x);
          return m[x];
        }
        todo := todo - {x};
      }
      NotListed(m, key);
      return null;
    }

    lemma NotListed(m: Table, key: Key)
      requires Valid() && RefersTo(m, objects) && forall x :: x in m ==> m[x].key != key
      ensures !Listed(Value(), Positions(m), key)
    {}

    lemma PickedIs(m: Table, key: Key, x: nat)
      requires Valid() && RefersTo(m, objects) && Shape(Value()) && x in m && m[x].key == key
      ensures Listed(Value(), Positions(m), key) && Pick(Value(), Positions(m), key) == m[x].at
      ensures m[x] in objects && m[x].at < |objects| && objects[m[x].at] == m[x]
    {
      assert Matches(Value(), Positions(m), key, x);
      var y :| Matches(Value(), Positions(m), key, y) && Pick(Value(), Positions(m), key) == Positions(m)[y];
    }

    /** Setting fields of one object. */
    method Set(e: EntryObject, dispatcher: Option<Dispatcher>, handler: Option<nat>, index: nat)
      requires Valid() && e.at < |objects| && objects[e.at] == e
      modifies e
      ensures Valid() && e.at < |old(Value()).entries|
      ensures Value() == old(Value()).(entries := old(Value()).entries[e.at := Entry(e.key, dispatcher, handler, index)])
    {
      e.dispatcher, e.handler, e.index := dispatcher, handler, index;
      assert forall a :: 0 <= a < |objects| && a != e.at ==> objects[a] != e;
    }

    method New(key: Key, dispatcher: Option<Dispatcher>, handler: Option<nat>, index: nat) returns (e: EntryObject)
      requires Valid()
      modifies this`objects
      ensures Valid() && fresh(e) && e.at == |old(Value()).entries| && objects == old(objects) + [e]
      ensures Value() == old(Value()).(entries := old(Value()).entries + [Entry(key, dispatcher, handler, index)])
    {
      e := new EntryObject(|objects|, key, dispatcher, handler, index);
      objects := objects + [e];
    }

    lemma PutIn(m: Table, x: nat, e: EntryObject)
      requires RefersTo(m, objects) && e.at < |objects| && objects[e.at] == e
      ensures RefersTo(m[x := e], objects) && Positions(m[x := e]) == Positions(m)[x := e.at]
    {}

    method PutClass(c: nat, e: EntryObject)
      requires Valid() && e.at < |objects| && objects[e.at] == e
      modifies this`byClass
      ensures Valid() && Value() == old(Value()).(byClass := old(Value()).byClass[c := e.at])
    {
      PutIn(byClass, c, e);
      hide Positions, RefersTo;
      byClass := byClass[c := e];
    }

    method PutIndex(i: nat, e: EntryObject)
      requires Valid() && e.at < |objects| && objects[e.at] == e
      modifies this`byIndex
      ensures Valid() && Value() == old(Value()).(byIndex := old(Value()).byIndex[i := e.at])
    {
      PutIn(byIndex, i, e);
      hide Positions, RefersTo;
      byIndex := byIndex[i := e];
    }

    /** What a reference in a map leads to. */
    lemma Referred(m: Table, x: nat)
      requires Valid() && RefersTo(m, objects) && x in m
      ensures m[x].at < |objects| && objects[m[x].at] == m[x] && m[x] in objects
      ensures m[x].at < |Value().entries| && Value().entries[m[x].at] == m[x].Value()
      ensures x in Positions(m) && Positions(m)[x] == m[x].at
    {}

    lemma InMaps()
      requires Valid()
      ensures RefersTo(byClass, objects) && RefersTo(byIndex, objects) && |Value().entries| == |objects|
      ensures forall a :: 0 <= a < |objects| ==> Value().entries[a] == objects[a].Value()
      ensures forall x :: x in byClass <==> x in Value().byClass
      ensures forall x :: x in byIndex <==> x in Value().byIndex
      ensures Value().byClass == Positions(byClass) && Value().byIndex == Positions(byIndex)
    {}

    method RegisterFixed(d: Dispatcher, h: nat)
      requires Valid()
      modifies this
      ensures Valid() && Value() == AddFixed(old(Value()), d, h)
      ensures forall a :: 0 <= a < |objects| ==> objects[a] in old(objects) || fresh(objects[a])
    {
      hide Valid, Value, RefersTo, Positions;
      var e := New(d.key, Some(d), Some(h), FixedIndex(d.class_));
      InMaps();
      PutClass(d.class_, e);
      PutIndex(FixedIndex(d.class_), e);
    }

    method RegisterNew(d: Dispatcher, h: nat)
      requires Valid()
      modifies this
      ensures Valid()
      ensures var (r, e) := (old(Value()), Entry(d.key, Some(d), Some(h), 0));
              Value() == Reg(r.entries + [e], r.byClass[d.class_ := |r.entries|], r.byIndex)
      ensures forall a :: 0 <= a < |objects| ==> objects[a] in old(objects) || fresh(objects[a])
    {
      hide Valid, Value, RefersTo, Positions;
      var e := New(d.key, Some(d), Some(h), 0);
      InMaps();
      PutClass(d.class_, e);
    }

    method DefineNew(i: nat, key: Key)
      requires Valid()
      modifies this
      ensures Valid()
      ensures var (r, e) := (old(Value()), Entry(key, None, None, i));
              Value() == Reg(r.entries + [e], r.byClass, r.byIndex[i := |r.entries|])
      ensures forall a :: 0 <= a < |objects| ==> objects[a] in old(objects) || fresh(objects[a])
    {
      hide Valid, Value, RefersTo, Positions;
      var e := New(key, None, None, i);
      InMaps();
      PutIndex(i, e);
    }

    method Register(d: Dispatcher, h: nat) returns (ok: bool)
      requires Valid() && Shape(Value())
      modifies this, objects
      ensures Valid() && (ok <==> AddHandler(old(Value()), d, h).Some?)
      ensures Value() == if ok then AddHandler(old(Value()), d, h).value else old(Value())
      ensures forall a :: 0 <= a < |objects| ==> objects[a] in old(objects) || fresh(objects[a])
    {
      InMaps();
      hide Pick, Shape, Valid, Value, RefersTo, Positions, Listed;
      ok := true;
      if FixedIndex(d.class_) != 0 {
        RegisterFixed(d, h);
        return;
      }
      if d.class_ in byClass {
        Referred(byClass, d.class_);
        var e := byClass[d.class_];
        if e.key != d.key { return false; }
        Set(e, e.dispatcher, Some(h), e.index);
        return;
      }
      var e := Find(byIndex, d.key);
      if e != null {
        Set(e, Some(d), Some(h), e.index);
      } else {
        RegisterNew(d, h);
      }
    }

    method Define(i: nat, key: Key) returns (ok: bool)
      requires Valid() && Shape(Value())
      modifies this, objects
      ensures Valid() && (ok <==> AddDefinition(old(Value()), i, key).Some?)
      ensures Value() == if ok then AddDefinition(old(Value()), i, key).value else old(Value())
      ensures forall a :: 0 <= a < |objects| ==> objects[a] in old(objects) || fresh(objects[a])
    {
      InMaps();
      hide Pick, Shape, Valid, Value, RefersTo, Positions, Listed;
      if i in byIndex {
        Referred(byIndex, i);
        return byIndex[i].key == key;
      }
      var e := Find(byClass, key);
      if e != null {
        // setIndex
        if e.index != 0 && e.index != i { return false; }
        Set(e, e.dispatcher, e.handler, i);
        PutIndex(i, e);
      } else {
        DefineNew(i, key);
      }
      return true;
    }

    /** get. */
    method Lookup(i: nat) returns (e: EntryObject?)
      requires Valid()
      ensures e == null <==> Get(Value(), i).None?
      ensures e != null ==> Get(Value(), i) == Some(e.Value())
    {
      InMaps();
      if i !in byIndex { return null; }
      Referred(byIndex, i);
      return byIndex[i];
    }
  }

  lemma PrefixOneToOne(es: seq<Event>, k: nat)
    requires OneToOne(es) && k <= |es|
    ensures OneToOne(es[..k])
  {}

  lemma RunStep(es: seq<Event>, k: nat)
    requires k < |es| && Run(es[..k]).Some?
    ensures Run(es[..k + 1]) == Step(Run(es[..k]).value, es[k])
  {
    hide Step;
    assert es[..k + 1][..k] == es[..k];
  }

  /** Registrations and definitions in any order on a new registry: nothing throws, and
    * it stands for the run of the events, of which AnyOrder speaks.
    */
  method Replay(es: seq<Event>) returns (r: Registry)
    requires OneToOne(es)
    ensures fresh(r) && r.Valid() && Run(es) == Some(r.Value())
  {
    hide OneToOne, Shape, Records, AddHandler, AddDefinition, Latest, Registry.Valid, Registry.Value, Run;
    r := new Registry();
    RunNone();
    var k := 0;
    while k < |es|
      invariant k <= |es| && fresh(r) && fresh(r.objects)
      invariant r.Valid() && Run(es[..k]) == Some(r.Value())
    {
      PrefixOneToOne(es, k);
      RunRecords(es[..k]);
      PrefixOneToOne(es, k + 1);
      RunRecords(es[..k + 1]);
      RunStep(es, k);
      var ok;
      match es[k] {
        case Handler(d, h) => ok := r.Register(d, h);
        case Definition(i, key) => ok := r.Define(i, key);
      }
      k := k + 1;
    }
    assert es[..k] == es;
  }

  lemma RunNone()
    ensures Run([]) == Some(Reg([], map[], map[]))
  {}

  /** What get then returns. */
  method ReplayAndGet(es: seq<Event>, i: nat) returns (e: EntryObject?)
    requires OneToOne(es)
    ensures e != null <==> exists k :: 0 <= k < |es| && Indexes(es[k], i)
    ensures forall k :: 0 <= k < |es| && Indexes(es[k], i) ==>
              e != null && e.index == i && e.key == KeyOf(es[k]) && e.handler == Latest(es, KeyOf(es[k]))
  {
    hide OneToOne, Run, Latest, Registry.Valid, Registry.Value;
    var r := Replay(es);
    e := r.Lookup(i);
    AnyOrder(es, i);
  }
}
