/** The least number of bytes that the Python parser consumes for a declaration: as
  * many as the flat signature of the result has.
  */
module SignatureLengths {
  import opened Wire
  import opened Types
  import opened Intentions
  import opened Signatures
  import opened PythonDecls

  // -------------------------------------------------------------------- packed32

  function Size0(n: nat): nat {
    if n == 0 then 0 else SizePacked(n)
  }

  lemma {:induction false} SizeGrows(m: nat, n: nat)
    requires m <= n
    ensures SizePacked(m) <= SizePacked(n)
  {
    if m >= 128 { SizeGrows(m / 128, n / 128); }
  }

  lemma OneMore(acc: nat, c: nat)
    requires c < 128
    ensures SizePacked((acc * 128 + c) % TWO32) <= 1 + Size0(acc)
    ensures Size0((acc * 128 + c) % TWO32) <= 1 + Size0(acc)
  {
    var n := acc * 128 + c;
    SizeGrows(n % TWO32, n);
    assert n / 128 == acc;
  }

  lemma {:induction false} UnpackFromConsumes(acc: nat, s: seq<byte>)
    ensures var r := UnpackFrom(acc, s);
            r.Ok? ==> |s| - |r.rest| >= 1 && SizePacked(r.value) <= |s| - |r.rest| + Size0(acc)
    decreases |s|
  {
    hide SizePacked, Size0;
    if s != [] {
      OneMore(acc, s[0] % 128);
      if s[0] >= 128 { UnpackFromConsumes((acc * 128 + s[0] % 128) % TWO32, s[1..]); }
    }
  }

  /** Overlong encodings are accepted, shorter ones do not exist. */
  lemma UnpackConsumes(s: seq<byte>)
    ensures var r := Unpack(s); r.Ok? ==> |s| - |r.rest| >= |Pack(r.value)|
  {
    hide UnpackFrom, Pack, SizePacked;
    UnpackFromConsumes(0, s);
    if Unpack(s).Ok? { PackSize(Unpack(s).value); }
  }

  lemma StringConsumes(s: seq<byte>)
    ensures var r := UnpackString(s); r.Ok? ==> |s| - |r.rest| >= |PackString(r.value)|
  {
    hide Unpack, Pack;
    UnpackConsumes(s);
  }

  // ------------------------------------------------------------------- intentions

  function PairSize(e: Intention): nat {
    |PackString(e.key)| + |PackString(e.value)|
  }

  function PairsSize(s: seq<Intention>): nat {
    if s == [] then 0 else PairSize(s[0]) + PairsSize(s[1..])
  }

  lemma {:induction false} PairsSizeIs(s: seq<Intention>, i: nat)
    requires i <= |s|
    ensures |PackPairs(s, i)| == PairsSize(s[i..])
    decreases |s| - i
  {
    hide PackString;
    if i < |s| {
      PairsSizeIs(s, i + 1);
      assert s[i..][1..] == s[i + 1..];
    }
  }

  lemma {:induction false} PairsSizeLast(s: seq<Intention>, e: Intention)
    ensures PairsSize(s + [e]) == PairsSize(s) + PairSize(e)
  {
    hide PairSize;
    if s == [] {
      assert s + [e] == [e] && [e][1..] == [];
    } else {
      assert (s + [e])[1..] == s[1..] + [e];
      PairsSizeLast(s[1..], e);
    }
  }

  lemma PairsSizeFirst(e: Intention, s: seq<Intention>)
    ensures PairsSize([e] + s) == PairSize(e) + PairsSize(s)
  {
    assert ([e] + s)[1..] == s;
  }

  lemma {:induction false} PutSize(d: seq<Intention>, e: Intention)
    ensures PairsSize(DictPut(d, e)) <= PairsSize(d) + PairSize(e) && |DictPut(d, e)| <= |d| + 1
  {
    hide PairSize, Less;
    if d == [] {
      PairsSizeFirst(e, []);
      assert [e] + [] == [e];
    } else {
      PairsSizeFirst(e, d[1..]);
      PairsSizeFirst(e, d);
      PairsSizeFirst(d[0], DictPut(d[1..], e));
      PutSize(d[1..], e);
    }
  }

  lemma {:induction false} DictSize(s: seq<Intention>)
    ensures PairsSize(DictOf(s)) <= PairsSize(s) && |DictOf(s)| <= |s|
  {
    hide PairSize, PairsSize, DictPut;
    if s == [] {
      assert DictOf(s) == [];
    } else {
      var (p, e) := (s[..|s| - 1], s[|s| - 1]);
      DictSize(p);
      PutSize(DictOf(p), e);
      assert s == p + [e];
      PairsSizeLast(p, e);
    }
  }

  lemma {:induction false} PairsConsume(n: nat, s: seq<byte>)
    ensures var r := UnpackPairs(n, s); r.Ok? ==> |r.value| == n && |s| - |r.rest| >= PairsSize(r.value)
  {
    hide UnpackString, PackString;
    if n > 0 && UnpackPairs(n, s).Ok? {
      StringConsumes(s);
      var k := UnpackString(s);
      StringConsumes(k.rest);
      var v := UnpackString(k.rest);
      PairsConsume(n - 1, v.rest);
      PairsSizeFirst(Intention(k.value, v.value), UnpackPairs(n - 1, v.rest).value);
    }
  }

  lemma IntentionsConsume(s: seq<byte>)
    ensures var r := UnpackIntentions(s); r.Ok? ==> |s| - |r.rest| >= |PackIntentions(r.value)|
  {
    hide Unpack, Pack, UnpackPairs, PackPairs, DictOf, PairsSize, SizePacked;
    if UnpackIntentions(s).Ok? {
      var n := Unpack(s);
      UnpackConsumes(s);
      PairsConsume(n.value, n.rest);
      var pairs := UnpackPairs(n.value, n.rest).value;
      DictSize(pairs);
      var d := DictOf(pairs);
      PairsSizeIs(d, 0);
      assert d[0..] == d;
      PackSize(|d|);
      PackSize(n.value);
      SizeGrows(|d|, n.value);
    }
  }

  // ----------------------------------------------------------------- declarations

  lemma UnfoldIndices(exps: seq<Exp>, i: nat)
    requires i <= |exps|
    ensures FlatIndices(exps, i) == if i == |exps| then [] else Pack(IndexCode(exps[i])) + FlatIndices(exps, i + 1)
  {}

  lemma {:induction false} IndicesShift(e: Exp, more: seq<Exp>, i: nat)
    requires i <= |more|
    ensures FlatIndices([e] + more, i + 1) == FlatIndices(more, i)
    decreases |more| - i
  {
    hide Pack, FlatIndices;
    UnfoldIndices(more, i);
    UnfoldIndices([e] + more, i + 1);
    if i < |more| { IndicesShift(e, more, i + 1); }
  }

  lemma {:induction false} IndicesConsume(n: nat, s: seq<byte>)
    ensures var r := UnpackIndices(n, s); r.Ok? ==> |r.value| == n && |s| - |r.rest| >= |FlatIndices(r.value, 0)|
  {
    hide Unpack, Pack;
    if n > 0 && UnpackIndices(n, s).Ok? {
      UnpackConsumes(s);
      var k := Unpack(s);
      IndicesConsume(n - 1, k.rest);
      IndicesShift(if k.value == 0 then Variable else Literal(k.value), UnpackIndices(n - 1, k.rest).value, 0);
    }
  }

  lemma {:induction false} FieldsShift(f: Field, more: seq<Field>, i: nat)
    requires i <= |more|
    ensures FlatFields(Struct([f] + more), i + 1) == FlatFields(Struct(more), i)
    decreases |more| - i
  {
    hide PackIntentions, Sorted, Flat;
    if i < |more| { FieldsShift(f, more, i + 1); }
  }

  /** A parsed declaration took at least as many bytes as its flat signature. */
  lemma {:induction false} DeclConsumes(s: seq<byte>)
    requires var r := DecodeDecl(s); r.Ok? && InKeyOrder(r.value)
    ensures var r := DecodeDecl(s); |s| - |r.rest| >= |Flat(r.value)|
    decreases |s|, 1, 0
  {
    hide Unpack, Pack, UnpackIndices, FlatIndices, DecodeFields, FlatFields;
    var code := Unpack(s);
    UnpackConsumes(s);
    if code.value == ARRAY {
      UnpackConsumes(code.rest);
      var n := Unpack(code.rest);
      IndicesConsume(n.value, n.rest);
      DeclConsumes(UnpackIndices(n.value, n.rest).rest);
    } else if code.value == STRUCT {
      UnpackConsumes(code.rest);
      var n := Unpack(code.rest);
      FieldsConsume(n.value, n.rest);
    }
  }

  lemma {:induction false} FieldsConsume(n: nat, s: seq<byte>)
    requires var r := DecodeFields(n, s); r.Ok? && InKeyOrder(Struct(r.value))
    ensures var r := DecodeFields(n, s); |r.value| == n && |s| - |r.rest| >= |FlatFields(Struct(r.value), 0)|
    decreases |s|, 2, n
  {
    hide UnpackIntentions, PackIntentions, DecodeDecl, Flat, Sorted, Ascending;
    if n > 0 {
      IntentionsConsume(s);
      var i := UnpackIntentions(s);
      var d := DecodeDecl(i.rest);
      var more := DecodeFields(n - 1, d.rest).value;
      var f := Field(i.value, d.value);
      assert DecodeFields(n, s).value == [f] + more;
      OrderedTail(f, more);
      DeclConsumes(i.rest);
      FieldsConsume(n - 1, d.rest);
      SortedAgain(f.intentions);
      FieldsShift(f, more, 0);
    }
  }

  lemma OrderedTail(f: Field, more: seq<Field>)
    requires InKeyOrder(Struct([f] + more))
    ensures Ascending(f.intentions) && InKeyOrder(f.ty) && InKeyOrder(Struct(more))
  {
    hide Ascending;
    var all := [f] + more;
    assert all[0] == f;
    assert forall i :: 0 <= i < |more| ==> more[i] == all[i + 1];
  }

  /** A type in key order and its canonical type have the same signature. */
  lemma {:induction false} CanonFlat(t: Type)
    requires InKeyOrder(t)
    ensures InKeyOrder(Canon(t)) && Flat(Canon(t)) == Flat(t)
    decreases t, 1, 0
  {
    hide Pack, FlatIndices, FlatFields, Ascending, DictOf, Sorted;
    match t
    case Void => NoFlatFields();
    case Prim(_) =>
    case User(_, decl) => CanonFlat(decl);
    case Struct(fields) =>
      forall i | 0 <= i < |fields|
        ensures Ascending(Canon(t).fields[i].intentions) && InKeyOrder(Canon(t).fields[i].ty)
      {
        SortedAgain(fields[i].intentions);
        DictOfAscending(fields[i].intentions);
        CanonFlat(fields[i].ty);
      }
      CanonFlatFields(t, 0);
    case Array(exps, elem) =>
      CanonFlat(elem);
      CanonIndices(exps, 0);
  }

  lemma NoFlatFields()
    ensures FlatFields(Struct([]), 0) == []
  {}

  lemma {:induction false} CanonIndices(exps: seq<Exp>, i: nat)
    requires i <= |exps|
    ensures FlatIndices(CanonExps(exps), i) == FlatIndices(exps, i)
    decreases |exps| - i
  {
    hide Pack;
    if i < |exps| { CanonIndices(exps, i + 1); }
  }

  lemma {:induction false} CanonFlatFields(t: Type, i: nat)
    requires t.Struct? && InKeyOrder(t) && i <= |t.fields|
    ensures FlatFields(Canon(t), i) == FlatFields(t, i)
    decreases t, 0, |t.fields| - i
  {
    hide PackIntentions, Flat, Sorted, DictOf, Ascending;
    if i < |t.fields| {
      var f := t.fields[i];
      SortedAgain(f.intentions);
      DictOfAscending(f.intentions);
      CanonFlat(f.ty);
      CanonFlatFields(t, i + 1);
    }
  }

  /** What Python prints it reads back, leaving exactly what follows, if and only if
    * no field and no element is void.
    */
  lemma PythonRoundTripIff(t: Type, rest: seq<byte>)
    requires InKeyOrder(t) && Encodable(t)
    ensures DecodeDecl(EncodeDecl(t) + rest) == Ok(Canon(t), rest) <==> NoVoidInside(t)
  {
    hide EncodeDecl, Flat, DecodeDecl, Canon, InKeyOrder, NoVoidInside, Encodable;
    PythonAgreesIff(t);
    SignatureRoundTrip(t, rest);
    if DecodeDecl(EncodeDecl(t) + rest) == Ok(Canon(t), rest) {
      CanonFlat(t);
      DeclConsumes(EncodeDecl(t) + rest);
    }
  }
}
