/** How the Python library prints a declaration
  * (lib/python/labcomm2014/LabComm.py): like the compiler, except that a nested
  * declaration that is among the predefined ones is replaced by its index.
  */
module PythonDecls {
  import opened Wire
  import opened Types
  import opened Intentions
  import opened Signatures

  /** struct([]) is predefined. */
  predicate Predefined(t: Type) {
    t.Void? || t == Struct([])
  }

  /** encode_decl. */
  function EncodeDecl(t: Type): seq<byte>
    decreases t, 1, 0
  {
    match t
    case Void => Pack(STRUCT) + Pack(0)
    case Prim(p) => Pack(PrimCode(p))
    case User(_, decl) => EncodeDecl(decl)
    case Struct(fields) => Pack(STRUCT) + Pack(|fields|) + EncodeFields(t, 0)
    case Array(exps, elem) => Pack(ARRAY) + Pack(|exps|) + FlatIndices(exps, 0) + EncodeNested(elem)
  }

  /** encode_type_number. */
  function EncodeNested(t: Type): seq<byte>
    decreases t, 2, 0
  {
    if Predefined(t) then Pack(STRUCT) else EncodeDecl(t)
  }

  function EncodeFields(t: Type, i: nat): seq<byte>
    requires t.Struct? && i <= |t.fields|
    decreases t, 0, |t.fields| - i
  {
    if i == |t.fields| then []
    else PackIntentions(t.fields[i].intentions) + EncodeNested(t.fields[i].ty) + EncodeFields(t, i + 1)
  }

  /** Intentions as decode_intentions and the generated code give them. */
  ghost predicate InKeyOrder(t: Type)
    decreases t
  {
    match t
    case Void => true
    case Prim(_) => true
    case User(_, decl) => InKeyOrder(decl)
    case Struct(fields) => forall i :: 0 <= i < |fields| ==> Ascending(fields[i].intentions) && InKeyOrder(fields[i].ty)
    case Array(_, elem) => InKeyOrder(elem)
  }

  /** No field and no element is void. */
  ghost predicate NoVoidInside(t: Type)
    decreases t
  {
    match t
    case Void => true
    case Prim(_) => true
    case User(_, decl) => NoVoidInside(decl)
    case Struct(fields) => forall i :: 0 <= i < |fields| ==> !Predefined(fields[i].ty) && NoVoidInside(fields[i].ty)
    case Array(_, elem) => !Predefined(elem) && NoVoidInside(elem)
  }

  lemma Codes()
    ensures |Pack(STRUCT)| == 1 && |Pack(0)| == 1
  {
    assert High(0) == [];
  }

  lemma PredefinedFlat(t: Type)
    requires Predefined(t)
    ensures Flat(t) == Pack(STRUCT) + Pack(0) && EncodeDecl(t) == Flat(t) && NoVoidInside(t)
  {
    if t.Struct? { assert FlatFields(t, 0) == [] && EncodeFields(t, 0) == []; }
  }

  /** The Python encoding is the flat signature if and only if nothing inside is
    * void; otherwise it is shorter.
    */
  lemma {:induction false} PythonAgreesIff(t: Type)
    requires InKeyOrder(t)
    ensures |EncodeDecl(t)| <= |Flat(t)|
    ensures EncodeDecl(t) == Flat(t) <==> NoVoidInside(t)
    ensures |EncodeDecl(t)| == |Flat(t)| <==> NoVoidInside(t)
    decreases t, 1, 0
  {
    hide Pack, FlatIndices, PackIntentions, Predefined;
    match t
    case Void =>
    case Prim(_) =>
    case User(_, decl) => PythonAgreesIff(decl);
    case Struct(fields) => FieldsAgreeIff(t, 0);
    case Array(exps, elem) => NestedAgreesIff(elem);
  }

  lemma {:induction false} NestedAgreesIff(t: Type)
    requires InKeyOrder(t)
    ensures |EncodeNested(t)| <= |Flat(t)|
    ensures EncodeNested(t) == Flat(t) <==> !Predefined(t) && NoVoidInside(t)
    ensures |EncodeNested(t)| == |Flat(t)| <==> !Predefined(t) && NoVoidInside(t)
    decreases t, 2, 0
  {
    hide Pack, Flat, EncodeDecl, Predefined, NoVoidInside;
    if Predefined(t) {
      PredefinedFlat(t);
      Codes();
    } else {
      PythonAgreesIff(t);
    }
  }

  ghost predicate NoVoidFrom(t: Type, i: nat)
    requires t.Struct?
  {
    forall j :: i <= j < |t.fields| ==> !Predefined(t.fields[j].ty) && NoVoidInside(t.fields[j].ty)
  }

  lemma {:induction false} FieldsAgreeIff(t: Type, i: nat)
    requires t.Struct? && InKeyOrder(t) && i <= |t.fields|
    ensures |EncodeFields(t, i)| <= |FlatFields(t, i)|
    ensures EncodeFields(t, i) == FlatFields(t, i) <==> NoVoidFrom(t, i)
    ensures |EncodeFields(t, i)| == |FlatFields(t, i)| <==> NoVoidFrom(t, i)
    decreases t, 0, |t.fields| - i
  {
    hide PackIntentions, Flat, EncodeNested, Sorted, Predefined, NoVoidInside;
    if i < |t.fields| {
      var f := t.fields[i];
      SortedAgain(f.intentions);
      NestedAgreesIff(f.ty);
      FieldsAgreeIff(t, i + 1);
      assert NoVoidFrom(t, i) <==> NoVoidFrom(t, i + 1) && !Predefined(f.ty) && NoVoidInside(f.ty);
      assert EncodeFields(t, i) == PackIntentions(f.intentions) + EncodeNested(f.ty) + EncodeFields(t, i + 1);
      assert FlatFields(t, i) == PackIntentions(f.intentions) + Flat(f.ty) + FlatFields(t, i + 1);
    }
  }

  /** An array of void is printed without the count and cannot be read back. */
  lemma VoidElementBreaks()
    ensures DecodeDecl(EncodeDecl(Array([Variable], Void))) == Fail
  {
    var s := EncodeDecl(Array([Variable], Void));
    assert FlatIndices([Variable], 1) == [];
    assert FlatIndices([Variable], 0) == Pack(0) + [];
    var (d, c, b) := (Pack(STRUCT) + [], Pack(0) + (Pack(STRUCT) + []), Pack(1) + (Pack(0) + (Pack(STRUCT) + [])));
    assert s == Pack(ARRAY) + b by { hide Pack; }
    hide Pack;
    PackRoundTrip(ARRAY, b);
    PackRoundTrip(1, c);
    PackRoundTrip(0, d);
    PackRoundTrip(STRUCT, []);
    assert UnpackIndices(0, d) == Ok([], d);
    var none: seq<Exp> := [];
    assert [Variable] + none == [Variable];
    hide Unpack;
    assert UnpackIndices(1, c) == Ok([Variable], d);
  }
}
