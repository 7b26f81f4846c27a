/** Flat signatures: how the compiler prints a type (compiler/2014/
  * FlatSignature.jrag), and how the Python library parses it back
  * (lib/python/labcomm2014/LabComm.py).
  */
module Signatures {
  import opened Wire
  import opened Types
  import opened Intentions

  const ARRAY: nat := 0x10
  const STRUCT: nat := 0x11

  function PrimCode(p: Prim): nat {
    match p
    case Boolean => 0x20
    case Byte => 0x21
    case Short => 0x22
    case Int => 0x23
    case Long => 0x24
    case Float => 0x25
    case Double => 0x26
    case String => 0x27
    case Sample => 0x28
  }

  function PrimOf(code: nat): (p: Prim)
    requires 0x20 <= code <= 0x28
    ensures PrimCode(p) == code
  {
    match code
    case 0x20 => Boolean
    case 0x21 => Byte
    case 0x22 => Short
    case 0x23 => Int
    case 0x24 => Long
    case 0x25 => Float
    case 0x26 => Double
    case 0x27 => String
    case _ => Sample
  }

  function IndexCode(e: Exp): nat {
    if e.Literal? then e.n else 0
  }

  function FlatIndices(exps: seq<Exp>, i: nat): seq<byte>
    requires i <= |exps|
    decreases |exps| - i
  {
    if i == |exps| then [] else Pack(IndexCode(exps[i])) + FlatIndices(exps, i + 1)
  }

  /** flatSignature: typedefs expanded, intentions sorted. */
  function Flat(t: Type): seq<byte>
    decreases t, 1, 0
  {
    match t
    case Void => Pack(STRUCT) + Pack(0)
    case Prim(p) => Pack(PrimCode(p))
    case User(_, decl) => Flat(decl)
    case Struct(fields) => Pack(STRUCT) + Pack(|fields|) + FlatFields(t, 0)
    case Array(exps, elem) => Pack(ARRAY) + Pack(|exps|) + FlatIndices(exps, 0) + Flat(elem)
  }

  function FlatFields(t: Type, i: nat): seq<byte>
    requires t.Struct? && i <= |t.fields|
    decreases t, 0, |t.fields| - i
  {
    if i == |t.fields| then []
    else PackIntentions(Sorted(t.fields[i].intentions)) + Flat(t.fields[i].ty) + FlatFields(t, i + 1)
  }

  /** Every count fits a packed32. */
  ghost predicate Encodable(t: Type)
    decreases t
  {
    match t
    case Void => true
    case Prim(_) => true
    case User(_, decl) => Encodable(decl)
    case Struct(fields) =>
      |fields| < TWO32 && forall i :: 0 <= i < |fields| ==> FitsAll(fields[i].intentions) && Encodable(fields[i].ty)
    case Array(exps, elem) =>
      |exps| < TWO32 && (forall i :: 0 <= i < |exps| ==> IndexCode(exps[i]) < TWO32) && Encodable(elem)
  }

  // ----------------------------------------------------------------- parsing back

  function UnpackIndices(n: nat, s: seq<byte>): (r: Parsed<seq<Exp>>)
    ensures r.Ok? ==> |r.rest| <= |s|
  {
    if n == 0 then Ok([], s)
    else
      match Unpack(s)
      case Fail => Fail
      case Ok(k, s1) =>
        match UnpackIndices(n - 1, s1)
        case Fail => Fail
        case Ok(more, s2) => Ok([if k == 0 then Variable else Literal(k)] + more, s2)
  }

  /** decode_decl. An index that is neither primitive, array nor struct fails. */
  function DecodeDecl(s: seq<byte>): (r: Parsed<Type>)
    ensures r.Ok? ==> |r.rest| < |s|
    decreases |s|, 1, 0
  {
    match Unpack(s)
    case Fail => Fail
    case Ok(code, s1) =>
      if 0x20 <= code <= 0x28 then Ok(Prim(PrimOf(code)), s1)
      else if code == ARRAY then
        match Unpack(s1)
        case Fail => Fail
        case Ok(n, s2) =>
          (match UnpackIndices(n, s2)
           case Fail => Fail
           case Ok(exps, s3) =>
             match DecodeDecl(s3)
             case Fail => Fail
             case Ok(elem, s4) => Ok(Array(exps, elem), s4))
      else if code == STRUCT then
        match Unpack(s1)
        case Fail => Fail
        case Ok(n, s2) =>
          (match DecodeFields(n, s2)
           case Fail => Fail
           case Ok(fields, s3) => Ok(Struct(fields), s3))
      else Fail
  }

  function DecodeFields(n: nat, s: seq<byte>): (r: Parsed<seq<Field>>)
    ensures r.Ok? ==> |r.rest| <= |s|
    decreases |s|, 2, n
  {
    if n == 0 then Ok([], s)
    else
      match UnpackIntentions(s)
      case Fail => Fail
      case Ok(ints, s1) =>
        match DecodeDecl(s1)
        case Fail => Fail
        case Ok(ty, s2) =>
          match DecodeFields(n - 1, s2)
          case Fail => Fail
          case Ok(more, s3) => Ok([Field(ints, ty)] + more, s3)
  }

  // ------------------------------------------------------------------- canonical

  function CanonExps(exps: seq<Exp>): seq<Exp> {
    seq(|exps|, i requires 0 <= i < |exps| => if exps[i] == Literal(0) then Variable else exps[i])
  }

  /** A type as its signature tells it: typedefs expanded, void an empty struct,
    * intentions a sorted dictionary, index 0 variable.
    */
  function Canon(t: Type): Type
    decreases t
  {
    match t
    case Void => Struct([])
    case Prim(_) => t
    case User(_, decl) => Canon(decl)
    case Struct(fields) =>
      Struct(seq(|fields|, i requires 0 <= i < |fields| =>
        Field(DictOf(Sorted(fields[i].intentions)), Canon(fields[i].ty))))
    case Array(exps, elem) => Array(CanonExps(exps), Canon(elem))
  }

  lemma {:induction false} IndicesRoundTrip(exps: seq<Exp>, i: nat, rest: seq<byte>)
    requires forall j :: 0 <= j < |exps| ==> IndexCode(exps[j]) < TWO32
    requires i <= |exps|
    ensures UnpackIndices(|exps| - i, FlatIndices(exps, i) + rest) == Ok(CanonExps(exps)[i..], rest)
    decreases |exps| - i
  {
    hide Unpack, Pack;
    if i == |exps| {
      assert FlatIndices(exps, i) + rest == rest;
    } else {
      var tail := FlatIndices(exps, i + 1) + rest;
      assert FlatIndices(exps, i) + rest == Pack(IndexCode(exps[i])) + tail;
      PackRoundTrip(IndexCode(exps[i]), tail);
      IndicesRoundTrip(exps, i + 1, rest);
      assert [CanonExps(exps)[i]] + CanonExps(exps)[i + 1..] == CanonExps(exps)[i..];
    }
  }

  lemma FitsSorted(s: seq<Intention>)
    requires FitsAll(s)
    ensures FitsAll(Sorted(s))
  {
    SortedSorts(s);
    forall i | 0 <= i < |Sorted(s)| ensures |Sorted(s)[i].key| < TWO32 && |Sorted(s)[i].value| < TWO32 {
      assert Sorted(s)[i] in multiset(Sorted(s));
      assert Sorted(s)[i] in s;
    }
  }

  lemma NoFields(s: seq<byte>)
    ensures DecodeFields(0, s) == Ok([], s)
  {}

  lemma StartsWith(a: seq<byte>, b: seq<byte>, c: seq<byte>, d: seq<byte>)
    ensures a + b + c + d == a + (b + (c + d)) && a + b + c == a + (b + c)
  {}

  /** A signature determines its type: parsing what the compiler printed gives the
    * canonical type and leaves exactly what follows.
    */
  lemma {:induction false} SignatureRoundTrip(t: Type, rest: seq<byte>)
    requires Encodable(t)
    ensures DecodeDecl(Flat(t) + rest) == Ok(Canon(t), rest)
    decreases t, 1, 0
  {
    hide Unpack, Pack, UnpackIndices, FlatIndices, DecodeFields, FlatFields, DictOf, Sorted;
    match t
    case Void =>
      assert Flat(t) + rest == Pack(STRUCT) + (Pack(0) + rest);
      PackRoundTrip(STRUCT, Pack(0) + rest);
      PackRoundTrip(0, rest);
      NoFields(rest);
    case Prim(p) => PackRoundTrip(PrimCode(p), rest);
    case User(_, decl) => SignatureRoundTrip(decl, rest);
    case Struct(fields) =>
      var tail := FlatFields(t, 0) + rest;
      StartsWith(Pack(STRUCT), Pack(|fields|), FlatFields(t, 0), rest);
      PackRoundTrip(STRUCT, Pack(|fields|) + tail);
      PackRoundTrip(|fields|, tail);
      FieldsRoundTrip(t, 0, rest);
      assert Canon(t).fields[0..] == Canon(t).fields;
    case Array(exps, elem) =>
      var (a, b, c) := (FlatIndices(exps, 0) + (Flat(elem) + rest), Flat(elem) + rest, CanonExps(exps));
      StartsWith(Pack(ARRAY), Pack(|exps|), FlatIndices(exps, 0), Flat(elem) + rest);
      assert Flat(t) + rest == Pack(ARRAY) + Pack(|exps|) + FlatIndices(exps, 0) + (Flat(elem) + rest);
      PackRoundTrip(ARRAY, Pack(|exps|) + a);
      PackRoundTrip(|exps|, a);
      IndicesRoundTrip(exps, 0, b);
      assert c[0..] == c;
      SignatureRoundTrip(elem, rest);
  }

  lemma {:induction false} FieldsRoundTrip(t: Type, i: nat, rest: seq<byte>)
    requires t.Struct? && Encodable(t) && i <= |t.fields|
    ensures DecodeFields(|t.fields| - i, FlatFields(t, i) + rest) == Ok(Canon(t).fields[i..], rest)
    decreases t, 0, |t.fields| - i
  {
    hide UnpackIntentions, PackIntentions, Flat, Sorted, DictOf, DecodeDecl, Canon, FitsAll;
    CanonField(t, i);
    if i == |t.fields| {
      assert FlatFields(t, i) + rest == rest;
    } else {
      var f := t.fields[i];
      var tail := FlatFields(t, i + 1) + rest;
      StartsWith(PackIntentions(Sorted(f.intentions)), Flat(f.ty), FlatFields(t, i + 1), rest);
      FitsSorted(f.intentions);
      IntentionsRoundTrip(Sorted(f.intentions), Flat(f.ty) + tail);
      SignatureRoundTrip(f.ty, tail);
      FieldsRoundTrip(t, i + 1, rest);
    }
  }

  lemma CanonField(t: Type, i: nat)
    requires t.Struct? && i <= |t.fields|
    ensures Canon(t).Struct? && |Canon(t).fields| == |t.fields|
    ensures i == |t.fields| ==> Canon(t).fields[i..] == []
    ensures i < |t.fields| ==>
            Canon(t).fields[i..]
            == [Field(DictOf(Sorted(t.fields[i].intentions)), Canon(t.fields[i].ty))] + Canon(t).fields[i + 1..]
  {
    hide DictOf, Sorted;
  }

  /** Equal signatures, equal types. */
  lemma FlatInjective(t: Type, u: Type)
    requires Encodable(t) && Encodable(u) && Flat(t) == Flat(u)
    ensures Canon(t) == Canon(u)
  {
    SignatureRoundTrip(t, []);
    SignatureRoundTrip(u, []);
  }
}
